/**
 * The text clean-up that runs before loading: comment stripping
 * (`removeComments`) and `.equiv` collection and substitution (`makeEquivs`),
 * as functions of the line list.  The `Interpreter` class performs them in
 * place and is proved to agree with these functions.
 */
module Preprocessor {
  import opened Faults
  import opened Text

  // ---------------------------------------------------------------------
  // Deleting collected positions

  /** The elements of `s` whose positions are not listed in `removes`, in order. */
  function Omit(s: seq<string>, removes: seq<int>): (r: seq<string>)
    ensures |r| <= |s|
  {
    if |s| == 0 then []
    else Omit(s[..|s| - 1], removes) + (if |s| - 1 in removes then [] else [s[|s| - 1]])
  }

  /** Positions listed in strictly increasing order, all inside a list of length `n`. */
  predicate AscendingPositions(removes: seq<int>, n: int)
  {
    (forall k :: 0 <= k < |removes| ==> 0 <= removes[k] < n) &&
    (forall j, k :: 0 <= j < k < |removes| ==> removes[j] < removes[k])
  }

  /** Listing only positions at or past the end omits nothing. */
  lemma {:induction false} OmitNone(s: seq<string>, removes: seq<int>)
    requires forall k :: 0 <= k < |removes| ==> removes[k] >= |s|
    ensures Omit(s, removes) == s
  {
    if |s| > 0 {
      OmitNone(s[..|s| - 1], removes);
      assert |s| - 1 !in removes;
    }
  }

  /**
   * Omitting one more position `r`, below every position already omitted,
   * deletes the element at index `r` of the previous result.
   */
  lemma {:induction false} OmitOneMore(s: seq<string>, removes: seq<int>, r: int)
    requires 0 <= r < |s|
    requires forall k :: 0 <= k < |removes| ==> removes[k] > r
    ensures |Omit(s, removes)| > r
    ensures Omit(s, [r] + removes) == Omit(s, removes)[..r] + Omit(s, removes)[r + 1..]
  {
    var n := |s|;
    var init := s[..n - 1];
    var more := [r] + removes;
    if n - 1 == r {
      assert n - 1 !in removes && n - 1 in more;
      OmitNone(init, removes);
      OmitNone(init, more);
      assert Omit(s, removes) == init + [s[n - 1]];
      assert Omit(s, more) == init;
    } else {
      OmitOneMore(init, removes, r);
      var o := Omit(init, removes);
      var tail := if n - 1 in removes then [] else [s[n - 1]];
      assert (n - 1 in more) == (n - 1 in removes);
      assert Omit(s, removes) == o + tail;
      assert Omit(s, more) == Omit(init, more) + tail;
      assert (o + tail)[..r] == o[..r];
      assert (o + tail)[r + 1..] == o[r + 1..] + tail;
    }
  }

  // ---------------------------------------------------------------------
  // removeComments

  /** One line as `removeComments` leaves it: cut at the first `#`, then trimmed. */
  function StripComment(line: string): (r: string)
    ensures '#' !in r
    ensures '#' !in line ==> r == line
  {
    var i := IndexOf(line, '#');
    if i >= 0 then
      var t := Trim(line[..i]);
      assert forall c :: c in t ==> c in line[..i] by {
        TrimPiece(line[..i]);
      }
      IndexOfFirst(line, '#');
      t
    else line
  }

  /** `removeComments`' first loop: every line cleaned in place. */
  function StripEach(lines: seq<string>): (r: seq<string>)
    ensures |r| == |lines|
  {
    if |lines| == 0 then [] else StripEach(lines[..|lines| - 1]) + [StripComment(lines[|lines| - 1])]
  }

  /** Line `k` of `StripEach` is line `k` cleaned. */
  lemma {:induction false} StripEachAt(lines: seq<string>)
    ensures forall k :: 0 <= k < |lines| ==> StripEach(lines)[k] == StripComment(lines[k])
  {
    if |lines| > 0 {
      StripEachAt(lines[..|lines| - 1]);
    }
  }

  predicate IsEmptyLine(line: string) { line == "" }

  /** The lines `removeComments` keeps: each cleaned, the empty ones dropped. */
  function StripComments(lines: seq<string>): seq<string>
  {
    Without(StripEach(lines), IsEmptyLine)
  }

  /** No line `removeComments` keeps is empty or holds a `#`. */
  lemma StripCommentsClean(lines: seq<string>)
    ensures forall k :: 0 <= k < |StripComments(lines)| ==> StripComments(lines)[k] != "" && '#' !in StripComments(lines)[k]
  {
    var cleaned := StripEach(lines);
    StripEachAt(lines);
    WithoutAt(cleaned, IsEmptyLine);
  }

  /** The positions of `s` whose element satisfies `p`, ascending. */
  function Where(s: seq<string>, p: string -> bool): (r: seq<int>)
    ensures AscendingPositions(r, |s|)
    ensures forall i :: 0 <= i < |s| ==> (i in r <==> p(s[i]))
  {
    if |s| == 0 then []
    else
      var init := Where(s[..|s| - 1], p);
      assert forall i :: 0 <= i < |s| - 1 ==> s[..|s| - 1][i] == s[i];
      init + (if p(s[|s| - 1]) then [|s| - 1] else [])
  }

  /** The elements of `s` that do not satisfy `p`, in order. */
  function Without(s: seq<string>, p: string -> bool): (r: seq<string>)
    ensures |r| <= |s|
  {
    if |s| == 0 then []
    else
      var init := Without(s[..|s| - 1], p);
      init + (if p(s[|s| - 1]) then [] else [s[|s| - 1]])
  }

  /** Every element `Without` keeps fails `p` and comes from `s`. */
  lemma {:induction false} WithoutAt(s: seq<string>, p: string -> bool)
    ensures forall k :: 0 <= k < |Without(s, p)| ==> !p(Without(s, p)[k]) && Without(s, p)[k] in s
  {
    if |s| > 0 {
      var init := s[..|s| - 1];
      WithoutAt(init, p);
      assert forall k :: 0 <= k < |Without(init, p)| ==> Without(init, p)[k] in s;
    }
  }

  /** Deleting the positions `Where` collects leaves exactly `Without`. */
  lemma {:induction false} OmitWhere(s: seq<string>, p: string -> bool)
    ensures Omit(s, Where(s, p)) == Without(s, p)
  {
    if |s| > 0 {
      var init := s[..|s| - 1];
      OmitWhere(init, p);
      OmitSamePositions(init, Where(s, p), Where(init, p));
    }
  }

  /** `Omit` depends only on which positions inside `s` are listed. */
  lemma {:induction false} OmitSamePositions(s: seq<string>, a: seq<int>, b: seq<int>)
    requires forall i :: 0 <= i < |s| ==> (i in a <==> i in b)
    ensures Omit(s, a) == Omit(s, b)
  {
    if |s| > 0 {
      OmitSamePositions(s[..|s| - 1], a, b);
    }
  }

  // ---------------------------------------------------------------------
  // makeEquivs

  /** A line `makeEquivs` treats as a definition. */
  predicate IsEquivLine(line: string) { ".equiv" <= line }

  /** A line `makeEquivs` leaves untouched during substitution. */
  predicate IsStringLine(line: string) { ".string" <= line }

  /**
   * The pair one `.equiv NAME, VALUE` line records: the second space-separated
   * field minus its last character, and the third field.
   */
  function EquivEntry(line: string): Result<(string, string)>
  {
    var f := Split(line, ' ');
    if |f| < 3 || |f[1]| == 0 then Err(MalformedEquiv(line))
    else Ok((f[1][..|f[1]| - 1], f[2]))
  }

  /**
   * The table of names and values, in the order the names were first
   * recorded; recording a name again replaces its value in place.
   */
  type Table = seq<(string, string)>

  predicate DistinctKeys(t: Table)
  {
    forall i, j :: 0 <= i < j < |t| ==> t[i].0 != t[j].0
  }

  function Lookup(t: Table, k: string): Option<string>
  {
    if |t| == 0 then None else if t[0].0 == k then Some(t[0].1) else Lookup(t[1..], k)
  }

  /** `HashMap.put`: the name now maps to the value, every other name is unchanged. */
  function Put(t: Table, k: string, v: string): (r: Table)
    requires DistinctKeys(t)
    ensures DistinctKeys(r)
    ensures Lookup(r, k) == Some(v)
    ensures forall k' :: k' != k ==> Lookup(r, k') == Lookup(t, k')
    ensures forall i :: 0 <= i < |r| ==> r[i].0 == k || r[i] in t
  {
    if |t| == 0 then [(k, v)]
    else if t[0].0 == k then
      assert forall k' :: k' != k ==> Lookup(t[1..], k') == Lookup(t, k');
      assert forall k' :: k' != k ==> Lookup([(k, v)] + t[1..], k') == Lookup(t[1..], k');
      [(k, v)] + t[1..]
    else
      var rest := Put(t[1..], k, v);
      assert forall i :: 0 <= i < |rest| ==> rest[i].0 != t[0].0 by {
        forall i | 0 <= i < |rest| ensures rest[i].0 != t[0].0 {
          if rest[i] in t[1..] {
            var j :| 0 <= j < |t[1..]| && t[1..][j] == rest[i];
            assert t[j + 1] == rest[i];
          }
        }
      }
      [t[0]] + rest
  }

  /** The table after `makeEquivs`' first loop has seen `lines`. */
  function EquivTable(lines: seq<string>, t0: Table): (r: Result<Table>)
    requires DistinctKeys(t0)
    ensures r.Ok? ==> DistinctKeys(r.value)
  {
    if |lines| == 0 then Ok(t0)
    else
      match EquivTable(lines[..|lines| - 1], t0)
      case Err(f) => Err(f)
      case Ok(t) =>
        var line := lines[|lines| - 1];
        if !IsEquivLine(line) then Ok(t)
        else
          match EquivEntry(line)
          case Err(f) => Err(f)
          case Ok(e) => Ok(Put(t, e.0, e.1))
  }

  predicate NonEmptyKeys(t: Table)
  {
    forall i :: 0 <= i < |t| ==> |t[i].0| > 0
  }

  /** Every name of the table, in table order, replaced by its value. */
  function Substitute(line: string, t: Table): string
    requires NonEmptyKeys(t)
    decreases |t|
  {
    if |t| == 0 then line else Substitute(ReplaceAll(line, t[0].0, t[0].1), t[1..])
  }

  /** One line after substitution: `.string` lines are left alone. */
  function Expand(line: string, t: Table): (r: string)
    requires NonEmptyKeys(t)
    ensures IsStringLine(line) ==> r == line
  {
    if IsStringLine(line) then line else Substitute(line, t)
  }

  function ExpandAll(lines: seq<string>, t: Table): (r: seq<string>)
    requires NonEmptyKeys(t)
    ensures |r| == |lines|
    ensures forall k :: 0 <= k < |r| ==> r[k] == Expand(lines[k], t)
  {
    if |lines| == 0 then [] else ExpandAll(lines[..|lines| - 1], t) + [Expand(lines[|lines| - 1], t)]
  }

  /** Substitution reaches an empty name, where Ant's replace loops forever. */
  predicate Diverges(lines: seq<string>, t: Table)
  {
    !NonEmptyKeys(t) && exists k :: 0 <= k < |lines| && !IsStringLine(lines[k])
  }

  /** `makeEquivs`: the new lines and the table, or the fault that stops it. */
  function ApplyEquivs(lines: seq<string>, t0: Table): (r: Result<(seq<string>, Table)>)
    requires DistinctKeys(t0)
  {
    match EquivTable(lines, t0)
    case Err(f) => Err(f)
    case Ok(t) =>
      var kept := Without(lines, IsEquivLine);
      if Diverges(kept, t) then Err(NoProgress)
      else if !NonEmptyKeys(t) then Ok((kept, t))
      else Ok((ExpandAll(kept, t), t))
  }

  // ---------------------------------------------------------------------
  // Properties of makeEquivs

  /** The value the last well-formed `.equiv` line naming `k` gives, if any. */
  function LastDefinition(lines: seq<string>, k: string): Option<string>
  {
    if |lines| == 0 then None
    else
      var line := lines[|lines| - 1];
      var e := EquivEntry(line);
      if IsEquivLine(line) && e.Ok? && e.value.0 == k then Some(e.value.1)
      else LastDefinition(lines[..|lines| - 1], k)
  }

  /**
   * A definition is malformed exactly when it has fewer than three fields or
   * an empty second field; otherwise its name is the second field minus its
   * last character and its value is the third field.
   */
  lemma EquivEntryFields(line: string)
    ensures var f := Split(line, ' ');
            EquivEntry(line).Ok? <==> |f| >= 3 && |f[1]| > 0
    ensures var f := Split(line, ' ');
            EquivEntry(line).Ok? ==> |EquivEntry(line).value.0| + 1 == |f[1]| && EquivEntry(line).value.0 <= f[1] && EquivEntry(line).value.1 == f[2]
  {
  }

  /** A definition line `makeEquivs` cannot split into a name and a value. */
  predicate Malformed(line: string)
  {
    IsEquivLine(line) && EquivEntry(line).Err?
  }

  /** A name is bound to the value of its last definition; later ones override earlier ones. */
  lemma {:induction false} LastDefinitionWins(lines: seq<string>, t0: Table, k: string)
    requires DistinctKeys(t0) && EquivTable(lines, t0).Ok?
    ensures Lookup(EquivTable(lines, t0).value, k) ==
            if LastDefinition(lines, k).Some? then LastDefinition(lines, k) else Lookup(t0, k)
  {
    if |lines| > 0 {
      LastDefinitionWins(lines[..|lines| - 1], t0, k);
    }
  }

  /** Collection fails exactly when some `.equiv` line lacks its name or value. */
  lemma {:induction false} EquivTableFails(lines: seq<string>, t0: Table)
    requires DistinctKeys(t0)
    ensures EquivTable(lines, t0).Err? <==> exists i :: 0 <= i < |lines| && Malformed(lines[i])
  {
    if |lines| > 0 {
      var init := lines[..|lines| - 1];
      EquivTableFails(init, t0);
      assert forall i :: 0 <= i < |init| ==> init[i] == lines[i];
      if EquivTable(init, t0).Err? {
        var i :| 0 <= i < |init| && Malformed(init[i]);
        assert Malformed(lines[i]);
      } else if EquivTable(lines, t0).Err? {
        assert Malformed(lines[|lines| - 1]);
      } else {
        assert !Malformed(lines[|lines| - 1]);
      }
    }
  }

  /** Once a prefix of the lines holds a malformed definition, collection fails with that fault. */
  lemma {:induction false} EquivTableStops(lines: seq<string>, t0: Table, i: int)
    requires DistinctKeys(t0) && 0 <= i <= |lines| && EquivTable(lines[..i], t0).Err?
    ensures EquivTable(lines, t0) == EquivTable(lines[..i], t0)
    decreases |lines| - i
  {
    if i < |lines| {
      assert lines[..i + 1][..i] == lines[..i];
      EquivTableStops(lines, t0, i + 1);
    } else {
      assert lines[..i] == lines;
    }
  }

  /** A line that mentions none of the names comes out of substitution unchanged. */
  lemma {:induction false} SubstituteUnmentioned(line: string, t: Table)
    requires NonEmptyKeys(t)
    requires forall i :: 0 <= i < |t| ==> !Contains(line, t[i].0)
    ensures Substitute(line, t) == line
    decreases |t|
  {
    if |t| > 0 {
      SubstituteUnmentioned(line, t[1..]);
    }
  }

  /** A successful `makeEquivs` drops the definitions, keeps `.string` lines and keeps the line count. */
  lemma ApplyEquivsShape(lines: seq<string>, t0: Table)
    requires DistinctKeys(t0) && ApplyEquivs(lines, t0).Ok?
    ensures EquivTable(lines, t0).Ok? && ApplyEquivs(lines, t0).value.1 == EquivTable(lines, t0).value
    ensures |ApplyEquivs(lines, t0).value.0| == |Without(lines, IsEquivLine)|
    ensures forall k :: 0 <= k < |ApplyEquivs(lines, t0).value.0| && IsStringLine(Without(lines, IsEquivLine)[k]) ==>
              ApplyEquivs(lines, t0).value.0[k] == Without(lines, IsEquivLine)[k]
  {
  }

  /**
   * A value that starts with none of the characters of `.equiv`: a number,
   * a register name such as `t0`, or any other value a definition usually has.
   */
  predicate SafeValues(t: Table)
  {
    forall i :: 0 <= i < |t| ==> |t[i].1| > 0 && t[i].1[0] !in ".equiv"
  }

  /** Replacing a name by a safe value never makes a line start with `.equiv`. */
  lemma {:induction false} ReplaceKeepsNonEquiv(s: string, k: string, v: string)
    requires |k| > 0 && |v| > 0 && v[0] !in ".equiv"
    requires !IsEquivLine(s)
    ensures !IsEquivLine(ReplaceAll(s, k, v))
    decreases |s|
  {
    var i := Find(s, k, 0);
    if i >= 0 {
      var r := ReplaceAll(s, k, v);
      assert r == s[..i] + v + ReplaceAll(s[i + |k|..], k, v);
      if i < 6 {
        assert r[i] == v[0] != ".equiv"[i];
      } else {
        assert r[..6] == s[..6];
      }
    }
  }

  /** Substituting safe values never makes a line start with `.equiv`. */
  lemma {:induction false} SubstituteKeepsNonEquiv(line: string, t: Table)
    requires NonEmptyKeys(t) && SafeValues(t)
    requires !IsEquivLine(line)
    ensures !IsEquivLine(Substitute(line, t))
    decreases |t|
  {
    if |t| > 0 {
      ReplaceKeepsNonEquiv(line, t[0].0, t[0].1);
      SubstituteKeepsNonEquiv(ReplaceAll(line, t[0].0, t[0].1), t[1..]);
    }
  }

  /** When every value is safe, no line `makeEquivs` leaves starts with `.equiv`. */
  lemma ApplyEquivsNoDefinitionLeft(lines: seq<string>, t0: Table)
    requires DistinctKeys(t0) && ApplyEquivs(lines, t0).Ok?
    requires SafeValues(ApplyEquivs(lines, t0).value.1)
    ensures forall k :: 0 <= k < |ApplyEquivs(lines, t0).value.0| ==> !IsEquivLine(ApplyEquivs(lines, t0).value.0[k])
  {
    var kept := Without(lines, IsEquivLine);
    WithoutAt(lines, IsEquivLine);
    var t := EquivTable(lines, t0).value;
    if NonEmptyKeys(t) {
      forall k | 0 <= k < |kept|
        ensures !IsEquivLine(Expand(kept[k], t))
      {
        if !IsStringLine(kept[k]) {
          SubstituteKeepsNonEquiv(kept[k], t);
        }
      }
    }
  }

  /**
   * Without that condition a definition can survive: after `.equiv K, .equiv`
   * a line `K` becomes `.equiv`, a line starting with `.equiv` that
   * `makeEquivs` has not removed.
   */
  lemma DefinitionSurvives(k: string)
    requires |k| > 0 && ' ' !in k && !IsEquivLine(k) && !IsStringLine(k)
    ensures ApplyEquivs([".equiv " + k + ", .equiv", k], []) == Ok(([".equiv"], [(k, ".equiv")]))
    ensures IsEquivLine(".equiv")
  {
    var lines := [".equiv " + k + ", .equiv", k];
    var t := [(k, ".equiv")];
    assert EquivTable(lines, []) == Ok(t) by {
      SurvivingTable(k);
    }
    assert Without(lines, IsEquivLine) == [k] by {
      assert lines[..1][..0] == [];
      assert IsEquivLine(lines[0]) by {
        assert lines[0][..6] == ".equiv";
      }
    }
    assert NonEmptyKeys(t);
    assert ExpandAll([k], t) == [".equiv"] by {
      assert ReplaceAll(k, k, ".equiv") == ".equiv" by {
        assert Find(k, k, 0) == 0;
        assert k[|k|..] == "";
      }
      assert Substitute(k, t) == Substitute(".equiv", []);
    }
  }

  /** The example's first line is a definition of `K`, its second line is not. */
  lemma SurvivingTable(k: string)
    requires ' ' !in k && !IsEquivLine(k)
    ensures EquivTable([".equiv " + k + ", .equiv", k], []) == Ok([(k, ".equiv")])
  {
    var def := ".equiv " + k + ", .equiv";
    var lines := [def, k];
    SurvivingEntry(k);
    assert IsEquivLine(def) by {
      assert def[..6] == ".equiv";
    }
    assert lines[..1] == [def] && lines[..1][..0] == [];
    assert EquivTable(lines[..1], []) == Ok([(k, ".equiv")]);
  }

  /** The definition line of the example records `K` with the value `.equiv`. */
  lemma SurvivingEntry(k: string)
    requires ' ' !in k
    ensures EquivEntry(".equiv " + k + ", .equiv") == Ok((k, ".equiv"))
  {
    var name := k + [','];
    assert ".equiv " + k + ", .equiv" == ".equiv" + [' '] + name + [' '] + ".equiv";
    assert ' ' !in ".equiv";
    SplitThree(".equiv", name, ".equiv", ' ');
    assert name[..|name| - 1] == k;
  }
}
