/**
 * `processInstruction`: an instruction line is split on spaces and its
 * operand tokens are sorted, by their shape, into the five instruction-level
 * fields.  Fields an instruction does not mention keep whatever an earlier
 * instruction left in them.
 */
module Decoder {
  import opened Faults
  import opened Word32
  import opened Text

  /** The fields `regTo`, `reg1`, `reg2`, `imm` and `label` (here `labelName`, as `label` is a Dafny keyword); `None` is Java's `null`. */
  datatype Operands = Operands(regTo: Option<string>, reg1: Option<string>, reg2: Option<string>,
                               imm: Option<i32>, labelName: Option<string>)

  /** The fields before the first instruction: all `null`. */
  const Unset: Operands := Operands(None, None, None, None, None)

  /** The keys of the register map, which `regs.containsKey` consults. */
  type Names = set<Option<string>>

  /** `Integer.parseInt` where its failure is an exception. */
  function Number(t: string): (r: Result<i32>)
    ensures r.Ok? <==> ParseInt(t).Some?
    ensures r.Err? ==> r.fault == BadNumber(t)
  {
    match ParseInt(t)
    case None => Err(BadNumber(t))
    case Some(v) => Ok(v)
  }

  /**
   * The offset before the parenthesis of an `off(reg)` token: a decimal
   * literal, or two numbers around the later of the first `+` and the first
   * `-`, subtracted when the text holds a `-` at all and added otherwise.
   */
  function Offset(tmp: string): (r: Result<i32>)
  {
    if IsDecimalLiteral(tmp) then Number(tmp) else Sum(tmp)
  }

  /** An offset that is not a literal: two numbers around a `+` or a `-`. */
  function Sum(tmp: string): (r: Result<i32>)
  {
    var plus := IndexOf(tmp, '+');
    var minus := IndexOf(tmp, '-');
    var ind := if plus < minus then minus else plus;
    if ind < 0 then Err(BadAddressing(tmp)) else SumAt(tmp, ind)
  }

  /** The numbers before and after position `ind`, subtracted when `tmp` holds a `-` and added otherwise. */
  function SumAt(tmp: string, ind: int): (r: Result<i32>)
    requires 0 <= ind < |tmp|
  {
    var a :- Number(tmp[..ind]);
    var b :- Number(tmp[ind + 1..]);
    Ok(if '-' in tmp then Wrap(a - b) else Wrap(a + b))
  }

  /** A literal token sets `imm`; a token that does not fit an `int` is an exception. */
  function Immediate(ops: Operands, t: string): (r: Result<Operands>)
  {
    if !IsDecimalLiteral(t) then Ok(ops)
    else
      var v :- Number(t);
      Ok(ops.(imm := Some(v)))
  }

  /**
   * The second operand: a literal sets `imm`; then a register name sets
   * `reg1` and anything else sets `label`; then an `off(reg)` token sets
   * `reg1` to the text between the parentheses and `imm` to its offset.
   */
  function Operand2(names: Names, ops: Operands, t: string): (r: Result<Operands>)
  {
    var o :- Immediate(ops, t);
    var o' := if Some(t) in names then o.(reg1 := Some(t)) else o.(labelName := Some(t));
    if '(' !in t then Ok(o')
    else
      var first := IndexOf(t, '(');
      var last := IndexOf(t, ')');
      if last < first + 1 then Err(BadAddressing(t))
      else
        var v :- Offset(t[..first]);
        Ok(o'.(reg1 := Some(t[first + 1..last]), imm := Some(v)))
  }

  /** The third operand: a literal sets `imm`; then a register name sets `reg2`, anything else `label`. */
  function Operand3(names: Names, ops: Operands, t: string): (r: Result<Operands>)
  {
    var o :- Immediate(ops, t);
    Ok(if Some(t) in names then o.(reg2 := Some(t)) else o.(labelName := Some(t)))
  }

  /**
   * `processInstruction(instr)`: the mnemonic and the fields after decoding.
   * `ecall` returns at once; otherwise the first operand becomes `regTo`,
   * and `jal` and `j` take their label from the operands as written.
   */
  function Decode(names: Names, ops: Operands, instr: string): (r: Result<(string, Operands)>)
  {
    var f := Split(instr, ' ');
    if |f| == 0 then Err(MissingOperand(instr))
    else if f[0] == "ecall" then Ok(("ecall", ops))
    else if |f| < 2 then Err(MissingOperand(instr))
    else
      var first := RemoveCommas(f[1]);
      var second := if |f| > 2 then RemoveCommas(f[2]) else "";
      var o2 :- if |f| > 2 then Operand2(names, ops, second) else Ok(ops);
      var o3 :- if |f| > 3 then Operand3(names, o2, RemoveCommas(f[3])) else Ok(o2);
      if f[0] == "jal" && Some(first) in names && |f| < 3 then Err(MissingOperand(instr))
      else
        var target :=
          if f[0] == "jal" then (if Some(first) in names then Some(second) else Some(first))
          else if f[0] == "j" then Some(first)
          else o3.labelName;
        Ok((f[0], o3.(regTo := Some(first), labelName := target)))
  }

  // ---------------------------------------------------------------------
  // Properties

  /** `a+b`, with `a` and `b` written without a sign, is their sum, wrapped to an `int`. */
  lemma OffsetAdds(a: i32, b: i32)
    requires 0 <= a && 0 <= b
    ensures Offset(Decimal(a) + "+" + Decimal(b)) == Ok(Wrap(a + b))
  {
    var da, db := Decimal(a), Decimal(b);
    assert |da| > 0 && AllDigits(da) && AllDigits(db) by {
      DecimalChars(a);
    }
    DigitsUnsigned(da);
    DigitsUnsigned(db);
    DecimalRoundTrip(a);
    DecimalRoundTrip(b);
    Around(da, '+', db);
    PlainSum(da + "+" + db, |da|, a, b);
  }

  /** `a-b`, with `a` and `b` written without a sign, is their difference, wrapped to an `int`. */
  lemma OffsetSubtracts(a: i32, b: i32)
    requires 0 <= a && 0 <= b
    ensures Offset(Decimal(a) + "-" + Decimal(b)) == Ok(Wrap(a - b))
  {
    var da, db := Decimal(a), Decimal(b);
    assert |da| > 0 && AllDigits(da) && AllDigits(db) by {
      DecimalChars(a);
    }
    DigitsUnsigned(da);
    DigitsUnsigned(db);
    DecimalRoundTrip(a);
    DecimalRoundTrip(b);
    Around(da, '-', db);
    PlainSum(da + "-" + db, |da|, a, b);
  }

  /**
   * A leading minus sign also means subtraction: `-a+b` is split at the `+`,
   * but the text holds a `-`, so the offset is `-a - b`, not `-a + b`.
   */
  lemma OffsetSignSubtracts(a: i32, b: i32)
    requires 0 <= a && 0 <= b
    ensures Offset("-" + Decimal(a) + "+" + Decimal(b)) == Ok(Wrap(-a - b))
  {
    var da, db := Decimal(a), Decimal(b);
    assert Number("-" + da) == Ok(-a) by {
      NatDigitsValue(a);
      ParseNegative(da);
    }
    assert Number(db) == Ok(b) by {
      DecimalRoundTrip(b);
    }
    assert '+' !in "-" + da by {
      DigitsUnsigned(da);
    }
    Around("-" + da, '+', db);
    SignedSum("-" + da + "+" + db, |da| + 1, a, b);
  }

  /** A token `-a…+b` whose first `+` is at `n` is `-a - b`: the `-` it holds makes the split a subtraction. */
  lemma SignedSum(s: string, n: int, a: i32, b: i32)
    requires 1 <= n < |s| && s[0] == '-' && s[n] == '+' && '+' !in s[..n] && 0 <= a
    requires Number(s[..n]) == Ok(-a) && Number(s[n + 1..]) == Ok(b)
    ensures Offset(s) == Ok(Wrap(-a - b))
  {
    NonDigitNotLiteral(s, n);
    IndexOfAt(s, n, '+');
    IndexOfAt(s, 0, '-');
    SumAtNegated(s, n, a, b);
  }

  /** `SumAtNumbers` with the first number negated: the difference is `-a - b`. */
  lemma SumAtNegated(tmp: string, ind: int, a: i32, b: i32)
    requires 0 <= ind < |tmp| && '-' in tmp && 0 <= a
    requires Number(tmp[..ind]) == Ok(-a) && Number(tmp[ind + 1..]) == Ok(b)
    ensures SumAt(tmp, ind) == Ok(Wrap(-a - b))
  {
  }

  /** A token with one sign, at `n`, between two unsigned numbers is their sum or difference. */
  lemma PlainSum(s: string, n: int, a: i32, b: i32)
    requires 1 <= n < |s| && (s[n] == '+' || s[n] == '-')
    requires '+' !in s[..n] && '-' !in s[..n] && '+' !in s[n + 1..] && '-' !in s[n + 1..]
    requires Number(s[..n]) == Ok(a) && Number(s[n + 1..]) == Ok(b)
    ensures Offset(s) == Ok(if s[n] == '-' then Wrap(a - b) else Wrap(a + b))
  {
    NonDigitNotLiteral(s, n);
    IndexOfAt(s, n, s[n]);
    NotAround(s, n, if s[n] == '+' then '-' else '+');
    SumAtNumbers(s, n, a, b);
  }

  /** Two numbers around position `ind` make the offset: their difference when the text holds a `-`, else their sum. */
  lemma SumAtNumbers(tmp: string, ind: int, a: i32, b: i32)
    requires 0 <= ind < |tmp| && Number(tmp[..ind]) == Ok(a) && Number(tmp[ind + 1..]) == Ok(b)
    ensures SumAt(tmp, ind) == Ok(if '-' in tmp then Wrap(a - b) else Wrap(a + b))
  {
  }

  /** With two minus signs the split is at the leading one, and the empty number before it is an exception. */
  lemma OffsetTwoMinusFails(a: i32, b: i32)
    requires 0 <= a && 0 <= b
    ensures Offset("-" + Decimal(a) + "-" + Decimal(b)) == Err(BadNumber(""))
  {
    var da, db := Decimal(a), Decimal(b);
    var s := "-" + da + "-" + db;
    DigitsUnsigned(da);
    DigitsUnsigned(db);
    assert IndexOf(s, '-') == 0;
    assert '+' !in s;
    assert !IsDecimalLiteral(s) by {
      assert s[1..][|da|] == '-';
    }
    assert s[..0] == "";
  }

  /** A literal token is an immediate exactly when it fits an `int`, and then it is that number. */
  lemma ImmediateLiteral(ops: Operands, t: string)
    requires IsDecimalLiteral(t)
    ensures Immediate(ops, t).Ok? <==> ParseInt(t).Some?
    ensures Immediate(ops, t).Ok? ==> Immediate(ops, t).value == ops.(imm := ParseInt(t))
  {
  }

  /**
   * A plain token (no parenthesis) sets `reg1` when it names a register and
   * `label` otherwise, never both, and leaves `regTo` and `reg2` alone.
   */
  lemma PlainOperand2(names: Names, ops: Operands, t: string)
    requires '(' !in t && Operand2(names, ops, t).Ok?
    ensures var o := Operand2(names, ops, t).value;
            o.regTo == ops.regTo && o.reg2 == ops.reg2 &&
            (Some(t) in names ==> o.reg1 == Some(t) && o.labelName == ops.labelName) &&
            (Some(t) !in names ==> o.labelName == Some(t) && o.reg1 == ops.reg1)
    ensures var o := Operand2(names, ops, t).value;
            o.imm == if IsDecimalLiteral(t) then ParseInt(t) else ops.imm
  {
  }

  /**
   * An `off(reg)` token always names the register between its parentheses
   * in `reg1` and replaces `imm` by its offset, whatever the fields held.
   */
  lemma AddressingOperand2(names: Names, ops: Operands, t: string)
    requires '(' in t && Operand2(names, ops, t).Ok?
    ensures var o := Operand2(names, ops, t).value;
            var first := IndexOf(t, '(');
            0 <= first < IndexOf(t, ')') &&
            o.reg1 == Some(t[first + 1..IndexOf(t, ')')]) &&
            Offset(t[..first]).Ok? && o.imm == Some(Offset(t[..first]).value) &&
            o.regTo == ops.regTo && o.reg2 == ops.reg2
  {
    assert !IsDecimalLiteral(t) by {
      var k := IndexOf(t, '(');
      if t[0] == '-' {
        assert t[1..][k - 1] == '(';
      } else {
        assert t[k] == '(';
      }
    }
  }

  /** `ecall` is decoded without looking at its operands: every field keeps its value. */
  lemma EcallKeepsFields(names: Names, ops: Operands, instr: string)
    requires |Split(instr, ' ')| > 0 && Split(instr, ' ')[0] == "ecall"
    ensures Decode(names, ops, instr) == Ok(("ecall", ops))
  {
  }

  /**
   * Every other decoded instruction sets `regTo` to its first operand, and
   * fields its operands do not reach keep their earlier values: with two
   * operands `reg2` is stale, and with one operand so are `reg1` and `imm`.
   */
  lemma StaleFields(names: Names, ops: Operands, instr: string)
    requires Decode(names, ops, instr).Ok? && Decode(names, ops, instr).value.0 != "ecall"
    ensures var f := Split(instr, ' ');
            var o := Decode(names, ops, instr).value.1;
            |f| >= 2 && o.regTo == Some(RemoveCommas(f[1])) &&
            (|f| <= 3 ==> o.reg2 == ops.reg2) &&
            (|f| <= 2 ==> o.reg1 == ops.reg1 && o.imm == ops.imm)
  {
    var f := Split(instr, ' ');
    assert |f| >= 2;
    if |f| > 2 {
      var o2 := Operand2(names, ops, RemoveCommas(f[2]));
      assert o2.Ok?;
      if |f| == 3 {
        Operand2Frame(names, ops, RemoveCommas(f[2]));
      }
    }
  }

  /** The second operand never touches `regTo` or `reg2`. */
  lemma Operand2Frame(names: Names, ops: Operands, t: string)
    requires Operand2(names, ops, t).Ok?
    ensures Operand2(names, ops, t).value.regTo == ops.regTo
    ensures Operand2(names, ops, t).value.reg2 == ops.reg2
  {
  }

  /**
   * `jal` jumps to its first operand, unless that operand names a register
   * (the link register written out), in which case it jumps to the second.
   */
  lemma JalLabel(names: Names, ops: Operands, instr: string)
    requires Decode(names, ops, instr).Ok? && Decode(names, ops, instr).value.0 == "jal"
    ensures var f := Split(instr, ' ');
            var o := Decode(names, ops, instr).value.1;
            |f| >= 2 &&
            (Some(RemoveCommas(f[1])) in names ==> |f| >= 3 && o.labelName == Some(RemoveCommas(f[2]))) &&
            (Some(RemoveCommas(f[1])) !in names ==> o.labelName == Some(RemoveCommas(f[1])))
  {
  }
}
