/**
 * Loading a cleaned program: the data directives (`data`, `makeData`), the
 * code-label pass (`setMainGlobals`) and the instruction list
 * (`makeInstructionList`), as functions of the line list.
 */
module Loader {
  import opened Faults
  import opened Word32
  import opened Text

  /** Where the data segment starts. */
  const DATA_BASE: i32 := 0x1000_0000

  /**
   * `HashMap<Integer, Integer>`: the sparse word memory.  `None` stands for
   * Java's `null`, which the map accepts both as a key and as a value.
   */
  type Memory = map<Option<i32>, Option<i32>>

  /** The label table, the memory and the running `address` while a program is loaded. */
  datatype Layout = Layout(labels: map<string, i32>, memory: Memory, address: i32)

  /** `memory.put(address, v); address += 4`. */
  function Store(lay: Layout, v: i32): (r: Layout)
    ensures r.labels == lay.labels && r.address == Slot(lay.address, 1)
  {
    lay.(memory := lay.memory[Some(lay.address) := Some(v)], address := Slot(lay.address, 1))
  }

  // ---------------------------------------------------------------------
  // `.string` packing

  /** `String.getBytes(US_ASCII)` for one character: anything outside ASCII becomes `?`. */
  function AsciiByte(c: char): (b: byte)
    ensures (c as int) < 128 ==> b == c as int
  {
    if (c as int) < 128 then c as int else 0x3f
  }

  function Ascii(s: string): (r: seq<byte>)
    ensures |r| == |s|
    ensures forall k :: 0 <= k < |s| ==> r[k] == AsciiByte(s[k])
  {
    if |s| == 0 then [] else [AsciiByte(s[0])] + Ascii(s[1..])
  }

  /** The bytes followed by `4 - n % 4` zero bytes: a whole number of words, at least one NUL. */
  function Padded(b: seq<byte>): (r: seq<byte>)
    ensures |r| % 4 == 0 && |b| < |r| <= |b| + 4
    ensures r[..|b|] == b
    ensures forall k :: |b| <= k < |r| ==> r[k] == 0
  {
    b + seq(4 - |b| % 4, _ => 0)
  }

  /** `ByteBuffer.getInt` repeated in little-endian order: four bytes to a word. */
  function Words(p: seq<byte>): (r: seq<i32>)
    requires |p| % 4 == 0
    ensures |r| == |p| / 4
  {
    if |p| == 0 then [] else [Pack(p[0], p[1], p[2], p[3])] + Words(p[4..])
  }

  /** The words a `.string` literal occupies. */
  function PackString(literal: string): seq<i32>
  {
    Words(Padded(Ascii(literal)))
  }

  /** The address `k` words after `base`, wrapped. */
  function Slot(base: i32, k: int): i32
  {
    Wrap(base + 4 * k)
  }

  /** The slots after the next word are the following slots of this one. */
  lemma SlotNext(base: i32, k: int)
    ensures Slot(Slot(base, 1), k) == Slot(base, k + 1)
  {
    WrapAddWrap(base + 4, 4 * k);
  }

  /** One word after slot `n` is slot `n + 1`. */
  lemma SlotStep(base: i32, n: int)
    ensures Wrap(Slot(base, n) + 4) == Slot(base, n + 1)
  {
    WrapAddWrap(base + 4 * n, 4);
  }

  /** Fewer than 2^30 words on, the address has not come round again. */
  lemma SlotDistinct(base: i32, k: int)
    requires 0 < k < 0x4000_0000
    ensures Slot(base, k) != base
  {
    WrapStepDistinct(base, 4 * k);
  }

  /** Words written at consecutive addresses, `address` advancing by 4 each time. */
  function StoreWords(lay: Layout, words: seq<i32>): (r: Layout)
    ensures r.labels == lay.labels
    ensures r.address == Slot(lay.address, |words|)
    decreases |words|
  {
    if |words| == 0 then lay
    else
      var next := Store(lay, words[0]);
      var r := StoreWords(next, words[1..]);
      SlotNext(lay.address, |words| - 1);
      r
  }

  /** Storing the words from the `k`-th on: the `k`-th word at the current address, then the rest one word on. */
  lemma StoreWordsNext(lay: Layout, words: seq<i32>, k: int)
    requires 0 <= k < |words|
    ensures StoreWords(lay, words[k..]) == StoreWords(Store(lay, words[k]), words[k + 1..])
  {
    var w := words[k..];
    assert w[0] == words[k] && w[1..] == words[k + 1..];
  }

  // ---------------------------------------------------------------------
  // `data`

  predicate IsLabelLine(line: string) { ':' in line }

  /** The text before the first `:`. */
  function LabelOf(line: string): string
    requires IsLabelLine(line)
  {
    line[..IndexOf(line, ':')]
  }

  /** The text between the first and the last double quote, if they are two different quotes. */
  function Literal(line: string): (r: Option<string>)
    ensures r.Some? <==> IndexOf(line, '"') < LastIndexOf(line, '"')
  {
    var first := IndexOf(line, '"');
    var last := LastIndexOf(line, '"');
    if first < last then Some(line[first + 1..last]) else None
  }

  /** A `.word` line: a decimal literal or a known label's address is stored; the address always advances. */
  function WordLine(lay: Layout, line: string): (r: Result<Layout>)
  {
    var fields := Split(line, ' ');
    if |fields| < 2 then Err(MalformedData(line))
    else
      var operand := fields[1];
      var next := Slot(lay.address, 1);
      if IsDecimalLiteral(operand) then
        match ParseInt(operand)
        case None => Err(BadNumber(operand))
        case Some(v) => Ok(Store(lay, v))
      else if operand in lay.labels then
        Ok(Store(lay, lay.labels[operand]))
      else
        Ok(lay.(address := next))
  }

  /** A `.string` line: the literal between the outer quotes is packed and stored word by word. */
  function StringLine(lay: Layout, line: string): (r: Result<Layout>)
  {
    match Literal(line)
    case None => Err(MalformedData(line))
    case Some(literal) => Ok(StoreWords(lay, PackString(literal)))
  }

  /**
   * `data(i)` on one line: a label records the current address, then
   * `.word` and `.string` are tried in that order; anything else is ignored.
   */
  function DataLine(lay: Layout, line: string): (r: Result<Layout>)
  {
    if IsLabelLine(line) then Ok(lay.(labels := lay.labels[LabelOf(line) := lay.address]))
    else if Contains(line, ".word") then WordLine(lay, line)
    else if Contains(line, ".string") then StringLine(lay, line)
    else Ok(lay)
  }

  // ---------------------------------------------------------------------
  // Passes over a range of lines

  /** What a pass does with one line. */
  type LineStep = (Layout, string) -> Result<Layout>

  /** `step(lines.get(i))`: an index outside the list is the fault `lines.get` raises. */
  function StepAt(step: LineStep, lay: Layout, lines: seq<string>, i: int): Result<Layout>
  {
    if 0 <= i < |lines| then step(lay, lines[i]) else Err(NoSuchLine(i))
  }

  /** `for (int i = lo; i < hi; i++) step(lines.get(i))`, stopping at the first fault. */
  function Pass(step: LineStep, lay: Layout, lines: seq<string>, lo: int, hi: int): (r: Result<Layout>)
    decreases hi - lo, 1
  {
    if hi <= lo then Ok(lay)
    else Extend(step, lay, lines, lo, hi)
  }

  /** A pass over at least one line: the lines before the last one, then the last one. */
  function Extend(step: LineStep, lay: Layout, lines: seq<string>, lo: int, hi: int): (r: Result<Layout>)
    requires lo < hi
    decreases hi - lo, 0
  {
    match Pass(step, lay, lines, lo, hi - 1)
    case Err(f) => Err(f)
    case Ok(l) => StepAt(step, l, lines, hi - 1)
  }

  /** The pass over lines `lo` to `hi - 1` from `lay` ends without a fault, with `l`. */
  predicate Reaches(step: LineStep, lay: Layout, lines: seq<string>, lo: int, hi: int, l: Layout)
  {
    Pass(step, lay, lines, lo, hi) == Ok(l)
  }

  /** `thrown` and `l` are how the pass over lines `lo` to `hi - 1` from `lay` ends: its fault, or its layout. */
  predicate Outcome(step: LineStep, lay: Layout, lines: seq<string>, lo: int, hi: int, thrown: Option<Fault>, l: Layout)
  {
    var r := Pass(step, lay, lines, lo, hi);
    thrown == ErrorOf(r) && (r.Ok? ==> l == r.value)
  }

  /** A pass that has reached line `i` with layout `l` goes one line further by stepping line `i`. */
  lemma PassNext(step: LineStep, lay: Layout, lines: seq<string>, lo: int, i: int, l: Layout)
    requires lo <= i && Reaches(step, lay, lines, lo, i, l)
    ensures Pass(step, lay, lines, lo, i + 1) == StepAt(step, l, lines, i)
  {
    assert Pass(step, lay, lines, lo, i + 1) == Extend(step, lay, lines, lo, i + 1);
  }

  /** A pass that has failed by line `j` fails with the same fault however far it was to go. */
  lemma {:induction false} PassStops(step: LineStep, lay: Layout, lines: seq<string>, lo: int, j: int, hi: int)
    requires j <= hi && Pass(step, lay, lines, lo, j).Err?
    ensures Pass(step, lay, lines, lo, hi) == Pass(step, lay, lines, lo, j)
    decreases hi - j
  {
    if j < hi {
      PassStops(step, lay, lines, lo, j, hi - 1);
    }
  }

  /** One pass over the data segment: `.data` up to `.text`, then the last `.data` to the end. */
  function DataPasses(lay: Layout, lines: seq<string>): Result<Layout>
  {
    match Pass(DataLine, lay, lines, IndexOf(lines, ".data"), IndexOf(lines, ".text"))
    case Err(f) => Err(f)
    case Ok(l) => Pass(DataLine, l, lines, LastIndexOf(lines, ".data"), |lines|)
  }

  // ---------------------------------------------------------------------
  // `setMainGlobals`

  /** A code line that takes up an instruction slot in the label layout. */
  predicate Advances(line: string)
  {
    !IsLabelLine(line) && !("." <= line) && !("#" <= line) && |line| >= 4
  }

  /** One line of the code-label pass. */
  function CodeLine(lay: Layout, line: string): (r: Result<Layout>)
  {
    if IsLabelLine(line) then Ok(lay.(labels := lay.labels[LabelOf(line) := lay.address]))
    else if Advances(line) then Ok(lay.(address := Slot(lay.address, 1)))
    else Ok(lay)
  }

  /** The code region: from `.globl main` up to the last `.data`. */
  function CodeStart(lines: seq<string>): int { IndexOf(lines, ".globl main") }
  function CodeEnd(lines: seq<string>): int { LastIndexOf(lines, ".data") }

  /** `setMainGlobals`: code labels laid out from address 0. */
  function CodeLabels(lay: Layout, lines: seq<string>): Result<Layout>
  {
    Pass(CodeLine, lay.(address := 0), lines, CodeStart(lines), CodeEnd(lines))
  }

  /** The first half of `makeData`: a data pass from `DATA_BASE`, then the code-label pass. */
  function FirstPasses(lay: Layout, lines: seq<string>): Result<Layout>
  {
    match DataPasses(lay.(address := DATA_BASE), lines)
    case Err(f) => Err(f)
    case Ok(first) => CodeLabels(first, lines)
  }

  /**
   * `makeData`: a data pass, the code-label pass, and a second data pass
   * from `DATA_BASE` that sees every label the first two passes bound.
   */
  function LoadData(lay: Layout, lines: seq<string>): Result<Layout>
  {
    match FirstPasses(lay, lines)
    case Err(f) => Err(f)
    case Ok(code) => DataPasses(code.(address := DATA_BASE), lines)
  }

  // ---------------------------------------------------------------------
  // `makeInstructionList`

  /** A code line that `makeInstructionList` keeps. */
  predicate Listed(line: string)
  {
    !("." <= line) && !IsLabelLine(line)
  }

  /** The listed lines of `lines[lo..hi]`, in order. */
  function ListedIn(lines: seq<string>, lo: int, hi: int): (r: seq<string>)
    requires 0 <= lo <= hi <= |lines|
    decreases hi - lo
    ensures forall k :: 0 <= k < |r| ==> Listed(r[k])
  {
    if hi == lo then []
    else ListedIn(lines, lo, hi - 1) + (if Listed(lines[hi - 1]) then [lines[hi - 1]] else [])
  }

  /** `makeInstructionList`: the listed lines of the code region, or the sub-list fault. */
  function InstructionList(lines: seq<string>): (r: Result<seq<string>>)
    ensures r.Ok? <==> 0 <= CodeStart(lines) <= CodeEnd(lines)
  {
    var lo := CodeStart(lines);
    var hi := CodeEnd(lines);
    if 0 <= lo <= hi then Ok(ListedIn(lines, lo, hi)) else Err(BadRegion(lo, hi))
  }

  // ---------------------------------------------------------------------
  // Properties of `.string` packing

  /** Byte `k` of a padded string is lane `k % 4` of word `k / 4`. */
  lemma {:induction false} WordsLanes(p: seq<byte>)
    requires |p| % 4 == 0
    ensures forall k :: 0 <= k < |p| ==> Lane(Words(p)[k / 4], k % 4) == p[k]
  {
    if |p| > 0 {
      WordsLanes(p[4..]);
      PackLanes(p[0], p[1], p[2], p[3]);
      forall k | 0 <= k < |p|
        ensures Lane(Words(p)[k / 4], k % 4) == p[k]
      {
        if 4 <= k {
          assert k / 4 == (k - 4) / 4 + 1 && k % 4 == (k - 4) % 4;
          assert p[k] == p[4..][k - 4];
        }
      }
    }
  }

  /**
   * A literal of `n` characters takes `n / 4 + 1` words; byte `k` of the
   * literal is lane `k % 4` of word `k / 4`, and every byte after the
   * literal, of which there are between 1 and 4, is zero.
   */
  lemma PackStringLayout(literal: string)
    ensures |PackString(literal)| == |literal| / 4 + 1
    ensures 1 <= 4 * |PackString(literal)| - |literal| <= 4
    ensures forall k :: 0 <= k < |literal| ==> Lane(PackString(literal)[k / 4], k % 4) == AsciiByte(literal[k])
    ensures forall k :: |literal| <= k < 4 * |PackString(literal)| ==> Lane(PackString(literal)[k / 4], k % 4) == 0
  {
    var b := Ascii(literal);
    var p := Padded(b);
    WordsLanes(p);
    assert |p| == |b| + 4 - |b| % 4;
    assert forall k :: 0 <= k < |b| ==> p[k] == b[k] by {
      assert p[..|b|] == b;
    }
  }

  /** Storing words leaves every address it does not write as it was. */
  lemma {:induction false} StoreWordsFrame(lay: Layout, words: seq<i32>, x: i32)
    requires forall k :: 0 <= k < |words| ==> x != Slot(lay.address, k)
    ensures (Some(x) in StoreWords(lay, words).memory) == (Some(x) in lay.memory)
    ensures Some(x) in lay.memory ==> StoreWords(lay, words).memory[Some(x)] == lay.memory[Some(x)]
    decreases |words|
  {
    if |words| > 0 {
      var next := Store(lay, words[0]);
      assert x != lay.address by {
        assert x != Slot(lay.address, 0);
      }
      forall k | 0 <= k < |words| - 1
        ensures x != Slot(next.address, k)
      {
        SlotNext(lay.address, k);
        assert x != Slot(lay.address, k + 1);
      }
      StoreWordsFrame(next, words[1..], x);
    }
  }

  /** Word `k` of `words` is at `Slot(address, k)` once the words are stored. */
  predicate StoredAt(lay: Layout, words: seq<i32>, k: int)
    requires 0 <= k < |words|
  {
    var x := Slot(lay.address, k);
    Some(x) in StoreWords(lay, words).memory && StoreWords(lay, words).memory[Some(x)] == Some(words[k])
  }

  /** The first store is never overwritten by the later ones of a run of at most 2^30 words. */
  lemma FirstStoreKept(lay: Layout, words: seq<i32>)
    requires 0 < |words| <= 0x4000_0000
    ensures StoredAt(lay, words, 0)
  {
    var next := Store(lay, words[0]);
    forall k | 0 <= k < |words| - 1
      ensures lay.address != Slot(next.address, k)
    {
      SlotNext(lay.address, k);
      SlotDistinct(lay.address, k + 1);
    }
    StoreWordsFrame(next, words[1..], lay.address);
    assert Slot(lay.address, 0) == lay.address;
  }

  lemma LaterStoreShifts(lay: Layout, words: seq<i32>, k: int)
    requires 0 < k < |words|
    requires StoredAt(Store(lay, words[0]), words[1..], k - 1)
    ensures StoredAt(lay, words, k)
  {
    SlotNext(lay.address, k - 1);
  }

  /** Word `k` of a run of at most 2^30 words lands at `Slot(address, k)`. */
  lemma {:induction false} StoreWordsPlaces(lay: Layout, words: seq<i32>)
    requires |words| <= 0x4000_0000
    ensures forall k :: 0 <= k < |words| ==> StoredAt(lay, words, k)
    decreases |words|
  {
    if |words| > 0 {
      var next := Store(lay, words[0]);
      StoreWordsPlaces(next, words[1..]);
      FirstStoreKept(lay, words);
      forall k | 0 < k < |words|
        ensures StoredAt(lay, words, k)
      {
        LaterStoreShifts(lay, words, k);
      }
    }
  }

  // ---------------------------------------------------------------------
  // Layout of the passes

  /**
   * A step that moves the address on by `words(line)` words and binds the
   * label of a label line, if any, to the address it found.
   */
  ghost predicate LaysOut(step: LineStep, words: string -> nat)
  {
    forall l: Layout, line: string {:trigger step(l, line)} :: step(l, line).Ok? ==>
      step(l, line).value.address == Slot(l.address, words(line)) &&
      step(l, line).value.labels == if IsLabelLine(line) then l.labels[LabelOf(line) := l.address] else l.labels
  }

  /** The address after `lines[lo..hi]`, starting from `a0`. */
  function PassEnd(words: string -> nat, lines: seq<string>, lo: int, hi: int, a0: i32): i32
    requires 0 <= lo && hi <= |lines|
    decreases hi - lo
  {
    if hi <= lo then a0 else Slot(PassEnd(words, lines, lo, hi - 1, a0), words(lines[hi - 1]))
  }

  /** The labels `lines[lo..hi]` bind, starting from `a0`: each to the address reached before it. */
  function Bindings(words: string -> nat, lines: seq<string>, lo: int, hi: int, a0: i32): map<string, i32>
    requires 0 <= lo && hi <= |lines|
    decreases hi - lo
  {
    if hi <= lo then map[]
    else
      var b := Bindings(words, lines, lo, hi - 1, a0);
      if IsLabelLine(lines[hi - 1]) then b[LabelOf(lines[hi - 1]) := PassEnd(words, lines, lo, hi - 1, a0)] else b
  }

  /** A pass that succeeds only reads lines inside the list. */
  lemma {:induction false} PassInside(step: LineStep, lay: Layout, lines: seq<string>, lo: int, hi: int)
    requires Pass(step, lay, lines, lo, hi).Ok? && lo < hi
    ensures 0 <= lo && hi <= |lines|
    decreases hi - lo
  {
    if lo < hi - 1 {
      PassInside(step, lay, lines, lo, hi - 1);
    }
  }

  /**
   * A pass whose steps lay out lines by `words` ends at `PassEnd` and adds
   * exactly `Bindings` to the label table, whatever labels and memory it
   * started with.
   */
  lemma {:induction false} PassLayout(step: LineStep, words: string -> nat, lay: Layout, lines: seq<string>, lo: int, hi: int)
    requires LaysOut(step, words)
    requires 0 <= lo <= hi <= |lines|
    requires Pass(step, lay, lines, lo, hi).Ok?
    ensures Pass(step, lay, lines, lo, hi).value.address == PassEnd(words, lines, lo, hi, lay.address)
    ensures Pass(step, lay, lines, lo, hi).value.labels == lay.labels + Bindings(words, lines, lo, hi, lay.address)
    decreases hi - lo
  {
    if lo < hi {
      PassLayout(step, words, lay, lines, lo, hi - 1);
      var l := Pass(step, lay, lines, lo, hi - 1).value;
      var line := lines[hi - 1];
      assert Pass(step, lay, lines, lo, hi) == step(l, line);
      var b := Bindings(words, lines, lo, hi - 1, lay.address);
      if IsLabelLine(line) {
        assert (lay.labels + b)[LabelOf(line) := l.address] == lay.labels + b[LabelOf(line) := l.address];
      }
    }
  }

  /** A `.word` line always moves the address on by one word, and binds no label. */
  lemma WordLineLayout(l: Layout, line: string)
    requires WordLine(l, line).Ok?
    ensures WordLine(l, line).value.address == Slot(l.address, 1)
    ensures WordLine(l, line).value.labels == l.labels
  {
  }

  /**
   * A `.string` line moves the address on by four bytes for each of the
   * `n / 4 + 1` words of its `n`-character literal, and binds no label.
   */
  lemma StringLineLayout(l: Layout, line: string)
    requires StringLine(l, line).Ok?
    ensures StringLine(l, line).value.address == Slot(l.address, |Literal(line).value| / 4 + 1)
    ensures StringLine(l, line).value.labels == l.labels
  {
    PackStringLayout(Literal(line).value);
  }

  /** A code line takes one word when it advances, none otherwise. */
  function CodeWords(line: string): nat
  {
    if Advances(line) then 1 else 0
  }

  /** The code lines of `lines[lo..hi]` that take an instruction slot. */
  function CountAdvancing(lines: seq<string>, lo: int, hi: int): nat
    requires 0 <= lo && hi <= |lines|
    decreases hi - lo
  {
    if hi <= lo then 0 else CountAdvancing(lines, lo, hi - 1) + (if Advances(lines[hi - 1]) then 1 else 0)
  }

  /** The code pass reaches one word per advancing line. */
  lemma {:induction false} CodeEndCounts(lines: seq<string>, lo: int, hi: int, a0: i32)
    requires 0 <= lo && hi <= |lines|
    ensures PassEnd(CodeWords, lines, lo, hi, a0) == Slot(a0, CountAdvancing(lines, lo, hi))
    decreases hi - lo
  {
    if lo < hi {
      CodeEndCounts(lines, lo, hi - 1, a0);
      var n := CountAdvancing(lines, lo, hi - 1);
      var w := CodeWords(lines[hi - 1]);
      assert CountAdvancing(lines, lo, hi) == n + w;
      SlotAdd(a0, n, w);
    }
  }

  /**
   * The code-label pass: each label is bound to four times the number of
   * advancing lines before it, and the pass ends four bytes past the last
   * of them.
   */
  lemma CodePassLayout(lay: Layout, lines: seq<string>, lo: int, hi: int)
    requires 0 <= lo <= hi <= |lines|
    requires Pass(CodeLine, lay, lines, lo, hi).Ok?
    ensures Pass(CodeLine, lay, lines, lo, hi).value.address == Slot(lay.address, CountAdvancing(lines, lo, hi))
    ensures Pass(CodeLine, lay, lines, lo, hi).value.labels == lay.labels + Bindings(CodeWords, lines, lo, hi, lay.address)
  {
    assert LaysOut(CodeLine, CodeWords);
    PassLayout(CodeLine, CodeWords, lay, lines, lo, hi);
    CodeEndCounts(lines, lo, hi, lay.address);
  }

  /**
   * When every code line is at least four characters long and none starts
   * with `#`, a line takes a slot in the label layout exactly when it is put
   * in the instruction list; so a label's address divided by four is the
   * index of the next listed instruction.
   */
  lemma {:induction false} LayoutMatchesList(lines: seq<string>, lo: int, hi: int)
    requires 0 <= lo <= hi <= |lines|
    requires forall i :: lo <= i < hi ==> |lines[i]| >= 4 && !("#" <= lines[i])
    ensures CountAdvancing(lines, lo, hi) == |ListedIn(lines, lo, hi)|
    decreases hi - lo
  {
    if lo < hi {
      LayoutMatchesList(lines, lo, hi - 1);
    }
  }

  /**
   * A short instruction such as `j x` is listed but takes no slot, so the
   * label after it points one instruction too early: here `x` is bound to
   * address 0, the `j x` itself, instead of the `li` that follows it.
   */
  lemma ShortLineDesyncs()
    ensures CodeLabels(Layout(map[], map[], 0), DesyncExample()) == Ok(Layout(map["x" := 0], map[], 4))
  {
    var lines := DesyncExample();
    DesyncRegion();
    var lay := Layout(map[], map[], 0);
    var bound := lay.(labels := map["x" := 0]);
    assert lines[0] == ".globl main" && lines[1] == "j x" && lines[2] == "x:" && lines[3] == "li a0, 1";
    assert Pass(CodeLine, lay, lines, 0, 2) == Ok(lay) by {
      DesyncSteps(lay);
      assert Pass(CodeLine, lay, lines, 0, 1) == Ok(lay);
    }
    assert Pass(CodeLine, lay, lines, 0, 3) == Ok(bound) by {
      DesyncSteps(lay);
    }
    DesyncSteps(bound);
    assert Slot(0, 1) == 4;
  }

  function DesyncExample(): seq<string>
  {
    [".globl main", "j x", "x:", "li a0, 1", ".data"]
  }

  lemma DesyncRegion()
    ensures CodeStart(DesyncExample()) == 0 && CodeEnd(DesyncExample()) == 4
  {
    var lines := DesyncExample();
    assert lines[4] == ".data";
  }

  /** What the label pass does with each line of the example. */
  lemma DesyncSteps(l: Layout)
    ensures CodeLine(l, ".globl main") == Ok(l)
    ensures CodeLine(l, "j x") == Ok(l)
    ensures CodeLine(l, "x:") == Ok(l.(labels := l.labels["x" := l.address]))
    ensures CodeLine(l, "li a0, 1") == Ok(l.(address := Slot(l.address, 1)))
  {
    assert ':' in "x:" && "x:"[1] == ':';
    assert LabelOf("x:") == "x";
    assert ':' !in "li a0, 1" && ':' !in "j x" && ':' !in ".globl main";
    assert "li a0, 1"[0] == 'l' && !("." <= "li a0, 1") && !("#" <= "li a0, 1");
    assert ".globl main"[..1] == ".";
  }

  /** Both instructions of the example are listed, so `li` is instruction 1 while `x` points at 0. */
  lemma DesyncListed()
    ensures InstructionList(DesyncExample()) == Ok(["j x", "li a0, 1"])
  {
    var lines := DesyncExample();
    DesyncRegion();
    assert ':' !in lines[1] && ':' !in lines[3] && ':' in lines[2];
    assert lines[1][0] == 'j' && lines[3][0] == 'l' && lines[0][..1] == ".";
    assert Listed(lines[1]) && Listed(lines[3]) && !Listed(lines[2]) && !Listed(lines[0]);
    assert ListedIn(lines, 0, 1) == [];
    assert ListedIn(lines, 0, 2) == ["j x"];
    assert ListedIn(lines, 0, 3) == ["j x"];
    assert ListedIn(lines, 0, 4) == ["j x"] + [lines[3]];
    assert InstructionList(lines) == Ok(ListedIn(lines, 0, 4));
    assert ["j x"] + [lines[3]] == ["j x", "li a0, 1"];
  }

  // ---------------------------------------------------------------------
  // Properties of `makeData`

  /** How many words a data line takes: one for `.word`, the packed literal's for `.string`. */
  function DataWords(line: string): nat
  {
    if IsLabelLine(line) then 0
    else if Contains(line, ".word") then 1
    else if Contains(line, ".string") && Literal(line).Some? then |Literal(line).value| / 4 + 1
    else 0
  }

  /** A data line moves the address on by `DataWords` and binds the label of a label line. */
  lemma DataLineLayout(l: Layout, line: string)
    requires DataLine(l, line).Ok?
    ensures DataLine(l, line).value.address == Slot(l.address, DataWords(line))
    ensures DataLine(l, line).value.labels == if IsLabelLine(line) then l.labels[LabelOf(line) := l.address] else l.labels
  {
    if IsLabelLine(line) || !(Contains(line, ".word") || Contains(line, ".string")) {
      assert Slot(l.address, 0) == l.address;
    } else if Contains(line, ".word") {
      WordLineLayout(l, line);
    } else {
      StringLineLayout(l, line);
    }
  }

  /** The data pass lays lines out by `DataWords`. */
  lemma DataLaysOut()
    ensures LaysOut(DataLine, DataWords)
  {
    forall l: Layout, line: string | DataLine(l, line).Ok?
      ensures DataLine(l, line).value.address == Slot(l.address, DataWords(line))
      ensures DataLine(l, line).value.labels == if IsLabelLine(line) then l.labels[LabelOf(line) := l.address] else l.labels
    {
      DataLineLayout(l, line);
    }
  }

  /** `.word x`, for an operand `x` without spaces or colons, is a `.word` line whose second field is `x`. */
  lemma WordOperand(x: string)
    requires |x| > 0 && ' ' !in x && ':' !in x
    ensures !IsLabelLine(".word " + x) && Contains(".word " + x, ".word")
    ensures Split(".word " + x, ' ') == [".word", x]
  {
    var line := ".word " + x;
    assert line == ".word" + [' '] + x;
    SplitTwo(".word", x, ' ');
    assert Contains(line, ".word") by {
      assert line[0..5] == ".word";
    }
  }

  /** A `.word` line with a decimal literal stores its value at the current address and moves on one word. */
  lemma WordLiteral(l: Layout, v: i32)
    ensures DataLine(l, ".word " + Decimal(v)) == Ok(Store(l, v))
  {
    var d := Decimal(v);
    assert IsDecimalLiteral(d) && ParseInt(d) == Some(v) by {
      DecimalIsLiteral(v);
      DecimalRoundTrip(v);
    }
    DecimalChars(v);
    WordOperand(d);
  }

  /** A `.word` line naming a label stores the label's address, when the label is known. */
  lemma WordLabel(l: Layout, x: string)
    requires |x| > 0 && ' ' !in x && ':' !in x && !IsDecimalLiteral(x) && x in l.labels
    ensures DataLine(l, ".word " + x) == Ok(Store(l, l.labels[x]))
  {
    WordOperand(x);
  }

  /** `l` with the memory `m` underneath its own: what `l` has not written reads from `m`. */
  function Under(l: Layout, m: Memory): Layout
  {
    l.(memory := m + l.memory)
  }

  function Lift(r: Result<Layout>, m: Memory): Result<Layout>
  {
    match r
    case Err(f) => Err(f)
    case Ok(l) => Ok(Under(l, m))
  }

  /** Storing words only writes: it does the same over any memory underneath. */
  lemma {:induction false} StoreWordsUnder(l: Layout, m: Memory, words: seq<i32>)
    ensures StoreWords(Under(l, m), words) == Under(StoreWords(l, words), m)
    decreases |words|
  {
    if |words| > 0 {
      var a := Some(l.address);
      assert Store(Under(l, m), words[0]) == Under(Store(l, words[0]), m) by {
        assert (m + l.memory)[a := Some(words[0])] == m + l.memory[a := Some(words[0])];
      }
      StoreWordsUnder(Store(l, words[0]), m, words[1..]);
    }
  }

  /** Storing one word only writes: it does the same over any memory underneath. */
  lemma StoreUnder(l: Layout, m: Memory, v: i32)
    ensures Store(Under(l, m), v) == Under(Store(l, v), m)
  {
    var a := Some(l.address);
    assert (m + l.memory)[a := Some(v)] == m + l.memory[a := Some(v)];
  }

  lemma WordLineUnder(l: Layout, m: Memory, line: string)
    ensures WordLine(Under(l, m), line) == Lift(WordLine(l, line), m)
  {
    var fields := Split(line, ' ');
    if |fields| >= 2 {
      var operand := fields[1];
      if IsDecimalLiteral(operand) && ParseInt(operand).Some? {
        StoreUnder(l, m, ParseInt(operand).value);
      } else if !IsDecimalLiteral(operand) && operand in l.labels {
        StoreUnder(l, m, l.labels[operand]);
      }
    }
  }

  lemma StringLineUnder(l: Layout, m: Memory, line: string)
    ensures StringLine(Under(l, m), line) == Lift(StringLine(l, line), m)
  {
    if Literal(line).Some? {
      StoreWordsUnder(l, m, PackString(Literal(line).value));
    }
  }

  /** A data line never reads memory: it does the same over any memory underneath. */
  lemma DataLineUnder(l: Layout, m: Memory, line: string)
    ensures DataLine(Under(l, m), line) == Lift(DataLine(l, line), m)
  {
    if IsLabelLine(line) {
    } else if Contains(line, ".word") {
      WordLineUnder(l, m, line);
    } else if Contains(line, ".string") {
      StringLineUnder(l, m, line);
    }
  }

  /** A data pass never reads memory: it does the same over any memory underneath. */
  lemma {:induction false} DataPassUnder(l: Layout, m: Memory, lines: seq<string>, lo: int, hi: int)
    ensures Pass(DataLine, Under(l, m), lines, lo, hi) == Lift(Pass(DataLine, l, lines, lo, hi), m)
    decreases hi - lo
  {
    if lo < hi {
      DataPassUnder(l, m, lines, lo, hi - 1);
      var r := Pass(DataLine, l, lines, lo, hi - 1);
      if r.Ok? && 0 <= hi - 1 < |lines| {
        DataLineUnder(r.value, m, lines[hi - 1]);
      }
    }
  }

  /** A pass over lines none of which is a label line for `x` leaves the entry for `x` as it was. */
  lemma {:induction false} PassKeepsLabel(step: LineStep, words: string -> nat, lay: Layout, lines: seq<string>, lo: int, hi: int, x: string)
    requires LaysOut(step, words)
    requires Pass(step, lay, lines, lo, hi).Ok?
    requires forall k :: lo <= k < hi && 0 <= k < |lines| && IsLabelLine(lines[k]) ==> LabelOf(lines[k]) != x
    ensures x in Pass(step, lay, lines, lo, hi).value.labels <==> x in lay.labels
    ensures x in lay.labels ==> Pass(step, lay, lines, lo, hi).value.labels[x] == lay.labels[x]
    decreases hi - lo
  {
    if lo < hi {
      assert Pass(step, lay, lines, lo, hi) == Extend(step, lay, lines, lo, hi);
      PassKeepsLabel(step, words, lay, lines, lo, hi - 1, x);
      var l := Pass(step, lay, lines, lo, hi - 1).value;
      assert Pass(step, lay, lines, lo, hi) == step(l, lines[hi - 1]);
    }
  }

  /** Every label `Bindings` holds comes from a label line of the range. */
  lemma {:induction false} BindingsFrom(words: string -> nat, lines: seq<string>, lo: int, hi: int, a0: i32, x: string)
    requires 0 <= lo && hi <= |lines|
    requires x in Bindings(words, lines, lo, hi, a0)
    ensures exists k :: lo <= k < hi && IsLabelLine(lines[k]) && LabelOf(lines[k]) == x
    decreases hi - lo
  {
    var line := lines[hi - 1];
    if !(IsLabelLine(line) && LabelOf(line) == x) {
      BindingsFrom(words, lines, lo, hi - 1, a0, x);
    }
  }

  /** The only label line for `x` in the range binds `x` to the address reached before it. */
  lemma {:induction false} BindingsAt(words: string -> nat, lines: seq<string>, lo: int, j: int, hi: int, a0: i32, x: string)
    requires 0 <= lo <= j < hi <= |lines|
    requires IsLabelLine(lines[j]) && LabelOf(lines[j]) == x
    requires forall k :: lo <= k < hi && k != j && IsLabelLine(lines[k]) ==> LabelOf(lines[k]) != x
    ensures x in Bindings(words, lines, lo, hi, a0)
    ensures Bindings(words, lines, lo, hi, a0)[x] == PassEnd(words, lines, lo, j, a0)
    decreases hi - lo
  {
    if j < hi - 1 {
      BindingsAt(words, lines, lo, j, hi - 1, a0, x);
    }
  }

  /** No label line for `x` in the range: `Bindings` has no entry for `x`. */
  lemma {:induction false} BindingsMiss(words: string -> nat, lines: seq<string>, lo: int, hi: int, a0: i32, x: string)
    requires 0 <= lo && hi <= |lines|
    requires forall k :: lo <= k < hi && IsLabelLine(lines[k]) ==> LabelOf(lines[k]) != x
    ensures x !in Bindings(words, lines, lo, hi, a0)
    decreases hi - lo
  {
    if lo < hi {
      BindingsMiss(words, lines, lo, hi - 1, a0, x);
    }
  }

  /** A pass that gets to the end of its range got through every shorter range. */
  lemma {:induction false} PassPrefix(step: LineStep, lay: Layout, lines: seq<string>, lo: int, j: int, hi: int)
    requires j <= hi && Pass(step, lay, lines, lo, hi).Ok?
    ensures Pass(step, lay, lines, lo, j).Ok?
    decreases hi - j
  {
    if j < hi && lo < hi {
      assert Pass(step, lay, lines, lo, hi) == Extend(step, lay, lines, lo, hi);
      PassPrefix(step, lay, lines, lo, j, hi - 1);
    }
  }

  /**
   * The data segment comes last: no `.text` follows the first `.data`, so
   * the first loop of a data pass is empty and the pass is the loop from the
   * last `.data` to the end.
   */
  predicate DataLast(lines: seq<string>)
  {
    IndexOf(lines, ".text") <= IndexOf(lines, ".data")
  }

  /** No label is bound both by a label line of the code region and by one of the data region. */
  predicate SeparateLabels(lines: seq<string>)
  {
    forall i, j ::
      0 <= i && CodeStart(lines) <= i < CodeEnd(lines) <= j < |lines| && IsLabelLine(lines[i]) && IsLabelLine(lines[j]) ==>
        LabelOf(lines[i]) != LabelOf(lines[j])
  }

  /**
   * When the data segment comes last, a data pass that does not fault lays
   * the data region out from its starting address and adds its bindings to
   * the label table.
   */
  lemma DataRegionLayout(lay: Layout, lines: seq<string>)
    requires DataLast(lines) && DataPasses(lay, lines).Ok?
    ensures 0 <= CodeEnd(lines) < |lines|
    ensures DataPasses(lay, lines) == Pass(DataLine, lay, lines, CodeEnd(lines), |lines|)
    ensures DataPasses(lay, lines).value.address == PassEnd(DataWords, lines, CodeEnd(lines), |lines|, lay.address)
    ensures DataPasses(lay, lines).value.labels == lay.labels + Bindings(DataWords, lines, CodeEnd(lines), |lines|, lay.address)
  {
    var d := CodeEnd(lines);
    assert Pass(DataLine, lay, lines, IndexOf(lines, ".data"), IndexOf(lines, ".text")) == Ok(lay);
    PassInside(DataLine, lay, lines, d, |lines|);
    DataLaysOut();
    PassLayout(DataLine, DataWords, lay, lines, d, |lines|);
  }

  /** The address after data lines `lo` to `hi - 1` from `a0`; a range that is empty or leaves the list lays out nothing. */
  function RegionEnd(lines: seq<string>, lo: int, hi: int, a0: i32): i32
  {
    if 0 <= lo < hi <= |lines| then PassEnd(DataWords, lines, lo, hi, a0) else a0
  }

  /** The labels data lines `lo` to `hi - 1` bind from `a0`; none for a range that is empty or leaves the list. */
  function RegionBindings(lines: seq<string>, lo: int, hi: int, a0: i32): map<string, i32>
  {
    if 0 <= lo < hi <= |lines| then Bindings(DataWords, lines, lo, hi, a0) else map[]
  }

  /** The first data loop of `makeData`, from the first `.data` up to the first `.text`, lays out that region, which may be empty. */
  lemma FirstRegionLayout(lay: Layout, lines: seq<string>)
    requires Pass(DataLine, lay, lines, IndexOf(lines, ".data"), IndexOf(lines, ".text")).Ok?
    ensures var d, t := IndexOf(lines, ".data"), IndexOf(lines, ".text");
            var r := Pass(DataLine, lay, lines, d, t).value;
            r.address == RegionEnd(lines, d, t, lay.address) && r.labels == lay.labels + RegionBindings(lines, d, t, lay.address)
  {
    var d, t := IndexOf(lines, ".data"), IndexOf(lines, ".text");
    if d < t {
      DataLaysOut();
      PassInside(DataLine, lay, lines, d, t);
      PassLayout(DataLine, DataWords, lay, lines, d, t);
    } else {
      assert lay.labels + map[] == lay.labels;
    }
  }

  /**
   * Whatever the layout of the segments, a data pass that does not fault
   * lays out the lines from the first `.data` up to the first `.text`, then
   * the lines from the last `.data` to the end, on from where the first
   * region stopped, and adds the labels of both regions to the table.
   */
  lemma DataPassesLayout(lay: Layout, lines: seq<string>)
    requires DataPasses(lay, lines).Ok?
    ensures 0 <= CodeEnd(lines) < |lines|
    ensures var a1 := RegionEnd(lines, IndexOf(lines, ".data"), IndexOf(lines, ".text"), lay.address);
            DataPasses(lay, lines).value.address == PassEnd(DataWords, lines, CodeEnd(lines), |lines|, a1)
    ensures var d, t := IndexOf(lines, ".data"), IndexOf(lines, ".text");
            var a1 := RegionEnd(lines, d, t, lay.address);
            DataPasses(lay, lines).value.labels ==
              lay.labels + RegionBindings(lines, d, t, lay.address) + Bindings(DataWords, lines, CodeEnd(lines), |lines|, a1)
  {
    var d, t, e, n := IndexOf(lines, ".data"), IndexOf(lines, ".text"), CodeEnd(lines), |lines|;
    FirstRegionLayout(lay, lines);
    var first := Pass(DataLine, lay, lines, d, t).value;
    assert DataPasses(lay, lines) == Pass(DataLine, first, lines, e, n);
    PassInside(DataLine, first, lines, e, n);
    DataLaysOut();
    PassLayout(DataLine, DataWords, first, lines, e, n);
  }

  /** The code-label pass leaves alone every label no code label line names. */
  lemma CodeKeepsLabel(lay: Layout, lines: seq<string>, x: string)
    requires CodeLabels(lay, lines).Ok?
    requires forall k :: 0 <= k && CodeStart(lines) <= k < CodeEnd(lines) && IsLabelLine(lines[k]) ==> LabelOf(lines[k]) != x
    ensures x in CodeLabels(lay, lines).value.labels <==> x in lay.labels
    ensures x in lay.labels ==> CodeLabels(lay, lines).value.labels[x] == lay.labels[x]
  {
    assert LaysOut(CodeLine, CodeWords);
    PassKeepsLabel(CodeLine, CodeWords, lay.(address := 0), lines, CodeStart(lines), CodeEnd(lines), x);
  }

  /**
   * With the data segment last and no label bound in both regions, the
   * second data pass of `makeData` binds nothing the first two passes had
   * not bound to the same address.
   */
  lemma SecondPassKeepsLabels(lay: Layout, lines: seq<string>)
    requires DataLast(lines) && SeparateLabels(lines) && LoadData(lay, lines).Ok?
    ensures FirstPasses(lay, lines).Ok?
    ensures LoadData(lay, lines).value.labels == FirstPasses(lay, lines).value.labels
  {
    var first := DataPasses(lay.(address := DATA_BASE), lines).value;
    var code := FirstPasses(lay, lines).value;
    var d, n := CodeEnd(lines), |lines|;
    DataRegionLayout(code.(address := DATA_BASE), lines);
    DataRegionLayout(lay.(address := DATA_BASE), lines);
    var b := Bindings(DataWords, lines, d, n, DATA_BASE);
    forall x | x in b
      ensures x in code.labels && code.labels[x] == b[x]
    {
      BindingsFrom(DataWords, lines, d, n, DATA_BASE, x);
      var j :| d <= j < n && IsLabelLine(lines[j]) && LabelOf(lines[j]) == x;
      CodeKeepsLabel(first, lines, x);
    }
  }

  /**
   * A data pass that binds no new label is idempotent: run again from the
   * same address over what it built, it builds the same thing.
   */
  lemma DataPassAgain(start: Layout, lines: seq<string>, final: Layout)
    requires DataLast(lines) && DataPasses(start, lines) == Ok(final) && final.labels == start.labels
    ensures DataPasses(final.(address := start.address), lines) == Ok(final)
  {
    DataRegionLayout(start, lines);
    var d, n := CodeEnd(lines), |lines|;
    var s0 := start.(memory := map[]);
    var again := final.(address := start.address);
    assert start == Under(s0, start.memory);
    DataPassUnder(s0, start.memory, lines, d, n);
    var w0 := Pass(DataLine, s0, lines, d, n).value;
    assert final == Under(w0, start.memory);
    assert again == Under(s0, final.memory);
    DataPassUnder(s0, final.memory, lines, d, n);
    assert Under(w0, final.memory) == final;
    assert Pass(DataLine, again, lines, IndexOf(lines, ".data"), IndexOf(lines, ".text")) == Ok(again);
  }

  /**
   * Loading settles: with the data segment last and no label bound in both
   * regions, another data pass from `DATA_BASE` over what `makeData` built
   * changes neither the label table nor the memory.
   */
  lemma LoadDataSettles(lay: Layout, lines: seq<string>)
    requires DataLast(lines) && SeparateLabels(lines) && LoadData(lay, lines).Ok?
    ensures DataPasses(LoadData(lay, lines).value.(address := DATA_BASE), lines) == LoadData(lay, lines)
  {
    SecondPassKeepsLabels(lay, lines);
    var code := FirstPasses(lay, lines).value;
    DataPassAgain(code.(address := DATA_BASE), lines, LoadData(lay, lines).value);
  }

  /** The second data pass of `makeData` over the data region, up to line `i`, when the data segment comes last. */
  function SecondPass(lay: Layout, lines: seq<string>, i: int): Result<Layout>
  {
    match FirstPasses(lay, lines)
    case Err(f) => Err(f)
    case Ok(code) => Pass(DataLine, code.(address := DATA_BASE), lines, CodeEnd(lines), i)
  }

  /**
   * When loading succeeds with the data segment last, the second data pass
   * reaches every line `i` of the data region at the address `PassEnd`
   * gives, knowing the labels of the first two passes and those bound
   * before line `i`, and steps that line with `DataLine`.
   */
  lemma SecondPassAt(lay: Layout, lines: seq<string>, i: int)
    requires DataLast(lines) && LoadData(lay, lines).Ok?
    requires CodeEnd(lines) <= i < |lines|
    ensures 0 <= CodeEnd(lines) && FirstPasses(lay, lines).Ok? && SecondPass(lay, lines, i).Ok?
    ensures LoadData(lay, lines) == SecondPass(lay, lines, |lines|)
    ensures SecondPass(lay, lines, i).value.address == PassEnd(DataWords, lines, CodeEnd(lines), i, DATA_BASE)
    ensures SecondPass(lay, lines, i).value.labels ==
              FirstPasses(lay, lines).value.labels + Bindings(DataWords, lines, CodeEnd(lines), i, DATA_BASE)
    ensures SecondPass(lay, lines, i + 1) == DataLine(SecondPass(lay, lines, i).value, lines[i])
  {
    var start := FirstPasses(lay, lines).value.(address := DATA_BASE);
    var d := CodeEnd(lines);
    DataRegionLayout(start, lines);
    PassPrefix(DataLine, start, lines, d, i, |lines|);
    DataLaysOut();
    PassLayout(DataLine, DataWords, start, lines, d, i);
    PassNext(DataLine, start, lines, d, i, SecondPass(lay, lines, i).value);
  }

  /** In the final pass, a `.word` line with a decimal literal stores the literal's value at the line's slot. */
  lemma LoadDataWordLiteral(lay: Layout, lines: seq<string>, i: int, v: i32)
    requires DataLast(lines) && LoadData(lay, lines).Ok?
    requires 0 <= CodeEnd(lines) <= i < |lines| && lines[i] == ".word " + Decimal(v)
    ensures SecondPass(lay, lines, i).Ok?
    ensures SecondPass(lay, lines, i).value.address == PassEnd(DataWords, lines, CodeEnd(lines), i, DATA_BASE)
    ensures SecondPass(lay, lines, i + 1) == Ok(Store(SecondPass(lay, lines, i).value, v))
  {
    SecondPassAt(lay, lines, i);
    WordLiteral(SecondPass(lay, lines, i).value, v);
  }

  /**
   * A forward reference resolves: a `.word x` in the data region, where `x`
   * is bound only by a later label line of the data region and by no label
   * line of the code region, stores in the final pass the address that
   * label line was laid out at; and the final table binds `x` to it.
   */
  lemma LoadDataForward(lay: Layout, lines: seq<string>, i: int, j: int, x: string)
    requires DataLast(lines) && LoadData(lay, lines).Ok?
    requires 0 <= CodeEnd(lines) <= i < j < |lines|
    requires lines[i] == ".word " + x && |x| > 0 && ' ' !in x && ':' !in x && !IsDecimalLiteral(x)
    requires IsLabelLine(lines[j]) && LabelOf(lines[j]) == x
    requires forall k :: CodeEnd(lines) <= k < |lines| && k != j && IsLabelLine(lines[k]) ==> LabelOf(lines[k]) != x
    requires forall k :: 0 <= k && CodeStart(lines) <= k < CodeEnd(lines) && IsLabelLine(lines[k]) ==> LabelOf(lines[k]) != x
    ensures SecondPass(lay, lines, i).Ok?
    ensures SecondPass(lay, lines, i).value.address == PassEnd(DataWords, lines, CodeEnd(lines), i, DATA_BASE)
    ensures SecondPass(lay, lines, i + 1) ==
              Ok(Store(SecondPass(lay, lines, i).value, PassEnd(DataWords, lines, CodeEnd(lines), j, DATA_BASE)))
    ensures x in LoadData(lay, lines).value.labels
    ensures LoadData(lay, lines).value.labels[x] == PassEnd(DataWords, lines, CodeEnd(lines), j, DATA_BASE)
  {
    var d, n := CodeEnd(lines), |lines|;
    var target := PassEnd(DataWords, lines, d, j, DATA_BASE);
    SecondPassAt(lay, lines, i);
    var first := DataPasses(lay.(address := DATA_BASE), lines).value;
    var code := FirstPasses(lay, lines).value;
    assert x in code.labels && code.labels[x] == target by {
      DataRegionLayout(lay.(address := DATA_BASE), lines);
      BindingsAt(DataWords, lines, d, j, n, DATA_BASE, x);
      CodeKeepsLabel(first, lines, x);
    }
    var l := SecondPass(lay, lines, i).value;
    assert x in l.labels && l.labels[x] == target by {
      BindingsMiss(DataWords, lines, d, i, DATA_BASE, x);
    }
    WordLabel(l, x);
    assert LoadData(lay, lines).value.labels == code.labels + Bindings(DataWords, lines, d, n, DATA_BASE) by {
      DataRegionLayout(code.(address := DATA_BASE), lines);
    }
    BindingsAt(DataWords, lines, d, j, n, DATA_BASE, x);
  }

  // ---------------------------------------------------------------------
  // What later lines leave alone

  /** The words `lines[lo..hi]` take in a layout by `words`. */
  function TotalWords(words: string -> nat, lines: seq<string>, lo: int, hi: int): nat
    requires 0 <= lo && hi <= |lines|
    decreases hi - lo
  {
    if hi <= lo then 0 else TotalWords(words, lines, lo, hi - 1) + words(lines[hi - 1])
  }

  /** `m` and `m'` agree at address `x`: both lack it, or both hold the same value there. */
  predicate Keeps(m: Memory, m': Memory, x: i32)
  {
    (Some(x) in m' <==> Some(x) in m) && (Some(x) in m ==> m'[Some(x)] == m[Some(x)])
  }

  /** Slots compose: `k` words on from slot `n` is slot `n + k`. */
  lemma SlotAdd(base: i32, n: int, k: int)
    ensures Slot(Slot(base, n), k) == Slot(base, n + k)
  {
    WrapAddWrap(base + 4 * n, 4 * k);
  }

  /** Avoiding the first `n + w` slots from `base` is avoiding the first `n` and the `w` after them. */
  lemma SlotsAvoid(base: i32, n: nat, w: nat, x: i32)
    requires forall k :: 0 <= k < n + w ==> x != Slot(base, k)
    ensures forall k :: 0 <= k < n ==> x != Slot(base, k)
    ensures forall k :: 0 <= k < w ==> x != Slot(Slot(base, n), k)
  {
    forall k | 0 <= k < w
      ensures x != Slot(Slot(base, n), k)
    {
      SlotAdd(base, n, k);
    }
  }

  /** A `.word` line writes at most the current address. */
  lemma WordLineFrame(l: Layout, line: string, x: i32)
    requires WordLine(l, line).Ok? && x != l.address
    ensures Keeps(l.memory, WordLine(l, line).value.memory, x)
  {
  }

  /** A `.string` line writes only the slots of its packed words. */
  lemma StringLineFrame(l: Layout, line: string, x: i32)
    requires StringLine(l, line).Ok?
    requires forall k :: 0 <= k < |Literal(line).value| / 4 + 1 ==> x != Slot(l.address, k)
    ensures Keeps(l.memory, StringLine(l, line).value.memory, x)
  {
    PackStringLayout(Literal(line).value);
    StoreWordsFrame(l, PackString(Literal(line).value), x);
  }

  /** A data line writes only the `DataWords` slots from the current address. */
  lemma DataLineFrame(l: Layout, line: string, x: i32)
    requires DataLine(l, line).Ok?
    requires forall k :: 0 <= k < DataWords(line) ==> x != Slot(l.address, k)
    ensures Keeps(l.memory, DataLine(l, line).value.memory, x)
  {
    if IsLabelLine(line) {
    } else if Contains(line, ".word") {
      assert x != Slot(l.address, 0);
      WordLineFrame(l, line, x);
    } else if Contains(line, ".string") {
      StringLineFrame(l, line, x);
    }
  }

  /** A step that writes no slot other than the `words(line)` slots from the current address. */
  ghost predicate WritesWithin(step: LineStep, words: string -> nat)
  {
    forall l: Layout, line: string, x: i32 {:trigger Keeps(l.memory, step(l, line).value.memory, x)} ::
      step(l, line).Ok? && (forall k :: 0 <= k < words(line) ==> x != Slot(l.address, k)) ==>
        Keeps(l.memory, step(l, line).value.memory, x)
  }

  /** The data pass writes only the slots its lines take. */
  lemma DataWritesWithin()
    ensures WritesWithin(DataLine, DataWords)
  {
    forall l: Layout, line: string, x: i32 | DataLine(l, line).Ok? && (forall k :: 0 <= k < DataWords(line) ==> x != Slot(l.address, k))
      ensures Keeps(l.memory, DataLine(l, line).value.memory, x)
    {
      DataLineFrame(l, line, x);
    }
  }

  /**
   * A pass whose steps lay lines out by `words` and write only the slots
   * they take ends `TotalWords` slots on, and any other address keeps what
   * it held.
   */
  lemma {:induction false} PassFrame(step: LineStep, words: string -> nat, l: Layout, lines: seq<string>, lo: int, hi: int, x: i32)
    requires LaysOut(step, words) && WritesWithin(step, words)
    requires 0 <= lo && hi <= |lines| && Pass(step, l, lines, lo, hi).Ok?
    requires forall k :: 0 <= k < TotalWords(words, lines, lo, hi) ==> x != Slot(l.address, k)
    ensures Pass(step, l, lines, lo, hi).value.address == Slot(l.address, TotalWords(words, lines, lo, hi))
    ensures Keeps(l.memory, Pass(step, l, lines, lo, hi).value.memory, x)
    decreases hi - lo
  {
    if lo < hi {
      var line := lines[hi - 1];
      var n := TotalWords(words, lines, lo, hi - 1);
      var w := words(line);
      SlotsAvoid(l.address, n, w, x);
      PassFrame(step, words, l, lines, lo, hi - 1, x);
      var p := Pass(step, l, lines, lo, hi - 1).value;
      assert Pass(step, l, lines, lo, hi) == step(p, line) by {
        assert Pass(step, l, lines, lo, hi) == Extend(step, l, lines, lo, hi);
      }
      assert Keeps(p.memory, step(p, line).value.memory, x);
      SlotAdd(l.address, n, w);
    } else {
      assert Slot(l.address, 0) == l.address;
    }
  }

  /** A `.word` line takes one word. */
  lemma WordLineWords(x: string)
    requires |x| > 0 && ' ' !in x && ':' !in x
    ensures DataWords(".word " + x) == 1
  {
    WordOperand(x);
  }

  /**
   * What a one-word line of the data region stores in the final pass is
   * still there when loading ends, as long as fewer than 2^30 - 1 words
   * follow it, so that the addresses after it do not come round.
   */
  lemma KeptToEnd(lay: Layout, lines: seq<string>, i: int)
    requires DataLast(lines) && LoadData(lay, lines).Ok?
    requires 0 <= CodeEnd(lines) <= i < |lines| && DataWords(lines[i]) == 1
    requires TotalWords(DataWords, lines, i + 1, |lines|) < 0x3FFF_FFFF
    ensures SecondPass(lay, lines, i).Ok? && SecondPass(lay, lines, i + 1).Ok?
    ensures Keeps(SecondPass(lay, lines, i + 1).value.memory, LoadData(lay, lines).value.memory, SecondPass(lay, lines, i).value.address)
  {
    SecondPassAt(lay, lines, i);
    var start := FirstPasses(lay, lines).value.(address := DATA_BASE);
    var d, n := CodeEnd(lines), |lines|;
    var at := SecondPass(lay, lines, i).value.address;
    assert SecondPass(lay, lines, i + 1).Ok? by {
      PassPrefix(DataLine, start, lines, d, i + 1, n);
    }
    var p := SecondPass(lay, lines, i + 1).value;
    assert p.address == Slot(at, 1) by {
      DataLineLayout(SecondPass(lay, lines, i).value, lines[i]);
    }
    assert LoadData(lay, lines) == Pass(DataLine, p, lines, i + 1, n) by {
      PassSplit(DataLine, start, lines, d, i + 1, n);
    }
    SlotsAfter(at, TotalWords(DataWords, lines, i + 1, n));
    DataLaysOut();
    DataWritesWithin();
    PassFrame(DataLine, DataWords, p, lines, i + 1, n, at);
  }

  /** Fewer than 2^30 - 1 slots after the one at `at`, the address has not come back to `at`. */
  lemma SlotsAfter(at: i32, total: nat)
    requires total < 0x3FFF_FFFF
    ensures forall k :: 0 <= k < total ==> at != Slot(Slot(at, 1), k)
  {
    forall k | 0 <= k < total
      ensures at != Slot(Slot(at, 1), k)
    {
      SlotAdd(at, 1, k);
      SlotDistinct(at, k + 1);
    }
  }

  /** A pass over `lo..hi` is the pass over `lo..j` followed by the pass over `j..hi`. */
  lemma {:induction false} PassSplit(step: LineStep, lay: Layout, lines: seq<string>, lo: int, j: int, hi: int)
    requires lo <= j <= hi && Pass(step, lay, lines, lo, j).Ok?
    ensures Pass(step, lay, lines, lo, hi) == Pass(step, Pass(step, lay, lines, lo, j).value, lines, j, hi)
    decreases hi - j
  {
    if j < hi {
      PassSplit(step, lay, lines, lo, j, hi - 1);
      assert Pass(step, lay, lines, lo, hi) == Extend(step, lay, lines, lo, hi);
      var mid := Pass(step, lay, lines, lo, j).value;
      assert Pass(step, mid, lines, j, hi) == Extend(step, mid, lines, j, hi);
    }
  }

  /** The forward reference of `LoadDataForward` is still in memory when loading ends. */
  lemma LoadDataForwardKept(lay: Layout, lines: seq<string>, i: int, j: int, x: string)
    requires DataLast(lines) && LoadData(lay, lines).Ok?
    requires 0 <= CodeEnd(lines) <= i < j < |lines|
    requires lines[i] == ".word " + x && |x| > 0 && ' ' !in x && ':' !in x && !IsDecimalLiteral(x)
    requires IsLabelLine(lines[j]) && LabelOf(lines[j]) == x
    requires forall k :: CodeEnd(lines) <= k < |lines| && k != j && IsLabelLine(lines[k]) ==> LabelOf(lines[k]) != x
    requires forall k :: 0 <= k && CodeStart(lines) <= k < CodeEnd(lines) && IsLabelLine(lines[k]) ==> LabelOf(lines[k]) != x
    requires TotalWords(DataWords, lines, i + 1, |lines|) < 0x3FFF_FFFF
    ensures var at := PassEnd(DataWords, lines, CodeEnd(lines), i, DATA_BASE);
            Some(at) in LoadData(lay, lines).value.memory &&
            LoadData(lay, lines).value.memory[Some(at)] == Some(PassEnd(DataWords, lines, CodeEnd(lines), j, DATA_BASE))
  {
    LoadDataForward(lay, lines, i, j, x);
    WordLineWords(x);
    KeptToEnd(lay, lines, i);
  }

  /** The literal of `LoadDataWordLiteral` is still in memory when loading ends. */
  lemma LoadDataWordLiteralKept(lay: Layout, lines: seq<string>, i: int, v: i32)
    requires DataLast(lines) && LoadData(lay, lines).Ok?
    requires 0 <= CodeEnd(lines) <= i < |lines| && lines[i] == ".word " + Decimal(v)
    requires TotalWords(DataWords, lines, i + 1, |lines|) < 0x3FFF_FFFF
    ensures var at := PassEnd(DataWords, lines, CodeEnd(lines), i, DATA_BASE);
            Some(at) in LoadData(lay, lines).value.memory && LoadData(lay, lines).value.memory[Some(at)] == Some(v)
  {
    LoadDataWordLiteral(lay, lines, i, v);
    DecimalChars(v);
    WordLineWords(Decimal(v));
    KeptToEnd(lay, lines, i);
  }
}
